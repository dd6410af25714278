/** Staging a request body: kept in memory up to a threshold, spilled to a private file
    beyond it. The file is modelled as the bytes written to it; reads and writes are taken
    to succeed. */
module Staging {
  import opened Basics

  const MEMORY_THRESHOLD: nat := 16 * 1024 * 1024

  datatype StageError = TooLarge(size: nat, limit: nat) | LengthMismatch(expected: nat, actual: nat)
  datatype Storage = Memory(bytes: Bytes) | File(bytes: Bytes)
  datatype Staged = Staged(storage: Storage, len: nat)

  /** The whole body, however it was cut up. */
  function Body(chunks: seq<Bytes>): Bytes {
    if chunks == [] then [] else Body(chunks[..|chunks| - 1]) + chunks[|chunks| - 1]
  }

  lemma BodyAppend(chunks: seq<Bytes>, n: nat)
    requires n < |chunks|
    ensures Body(chunks[..n + 1]) == Body(chunks[..n]) + chunks[n]
  {
    assert chunks[..n + 1][..n] == chunks[..n];
  }

  lemma {:induction false} BodyGrows(chunks: seq<Bytes>, n: nat)
    requires n <= |chunks|
    ensures |Body(chunks[..n])| <= |Body(chunks)|
    decreases |chunks| - n
  {
    if n == |chunks| {
      assert chunks[..n] == chunks;
    } else {
      BodyAppend(chunks, n);
      BodyGrows(chunks, n + 1);
    }
  }

  /** Chunk `n` is the first to take the body past the limit, to `size` bytes counted in
      64 bits. */
  ghost predicate PassesAt(chunks: seq<Bytes>, limit: nat, n: nat, size: nat)
    requires n < |chunks|
  {
    && |Body(chunks[..n])| <= limit < |Body(chunks[..n + 1])|
    && size == if |Body(chunks[..n + 1])| > U64_MAX then U64_MAX else |Body(chunks[..n + 1])|
  }

  /** The longest stretch of the first `n` chunks that fits in memory. */
  ghost predicate IsPeak(chunks: seq<Bytes>, n: nat, peak: nat)
    requires n <= |chunks|
  {
    && (exists m: nat :: m <= n && peak == |Body(chunks[..m])|)
    && (forall m: nat :: m <= n && |Body(chunks[..m])| <= MEMORY_THRESHOLD ==> |Body(chunks[..m])| <= peak)
  }

  lemma PeakAfter(chunks: seq<Bytes>, n: nat, peak: nat)
    requires n < |chunks| && IsPeak(chunks, n, peak)
    ensures var len := |Body(chunks[..n + 1])|;
            && (peak <= len <= MEMORY_THRESHOLD ==> IsPeak(chunks, n + 1, len))
            && (len > MEMORY_THRESHOLD ==> IsPeak(chunks, n + 1, peak))
  {
  }

  /** What staging a body comes to, said of the body alone: refused, or stored where. */
  datatype Verdict = RefusedTooLarge | RefusedMismatch | Stored(storage: Storage)

  function Expected(body: Bytes, expectedLen: Option<nat>, limit: nat, forceFile: bool): Verdict {
    if (expectedLen.Some? && expectedLen.value > limit) || |body| > limit then RefusedTooLarge
    else if expectedLen.Some? && expectedLen.value != |body| then RefusedMismatch
    else if forceFile || |body| > 16_777_216 then Stored(File(body))
    else Stored(Memory(body))
  }

  function VerdictOf(r: Result<Staged, StageError>): Verdict {
    match r
    case Success(staged) => Stored(staged.storage)
    case Failure(TooLarge(_, _)) => RefusedTooLarge
    case Failure(LengthMismatch(_, _)) => RefusedMismatch
  }

  /** `stage_stream_inner`. The verdict depends only on the joined body, never on how it
      was cut into chunks, and the memory buffer never exceeds the threshold. The size in
      a refusal is the one thing that does depend on the chunking: the declared length, or
      else what had arrived with the first chunk to pass the limit. */
  method StageStream(chunks: seq<Bytes>, expectedLen: Option<nat>, limit: nat, forceFile: bool)
    returns (r: Result<Staged, StageError>, peak: nat)
    requires limit <= U64_MAX
    ensures VerdictOf(r) == Expected(Body(chunks), expectedLen, limit, forceFile)
    ensures r.Success? ==> r.value.len == |Body(chunks)|
    ensures peak <= 16_777_216 && (forceFile ==> peak == 0)
    ensures r.Success? && !forceFile ==> IsPeak(chunks, |chunks|, peak)
    ensures r.Failure? && r.error.TooLarge? ==>
              && limit == r.error.limit
              && if expectedLen.Some? && expectedLen.value > limit then r.error.size == expectedLen.value
                 else exists n: nat :: n < |chunks| && PassesAt(chunks, limit, n, r.error.size)
    ensures r.Failure? && r.error.LengthMismatch? ==>
              r.error == LengthMismatch(expectedLen.value, |Body(chunks)|)
  {
    peak := 0;
    if expectedLen.Some? && expectedLen.value > limit {
      return Failure(TooLarge(expectedLen.value, limit)), peak;
    }
    var memory: Bytes := [];
    var file: Option<Bytes> := if forceFile then Some([]) else None;
    var len := 0;
    for i := 0 to |chunks|
      invariant len == |Body(chunks[..i])| <= limit
      invariant peak <= MEMORY_THRESHOLD && |memory| <= peak
      invariant file.Some? ==> memory == [] && file.value == Body(chunks[..i])
      invariant file.None? ==> memory == Body(chunks[..i]) && |memory| <= MEMORY_THRESHOLD
      invariant file.Some? <==> forceFile || len > MEMORY_THRESHOLD
      invariant forceFile ==> peak == 0
      invariant !forceFile ==> IsPeak(chunks, i, peak)
      invariant file.None? ==> peak == |memory|
    {
      var chunk := chunks[i];
      BodyAppend(chunks, i);
      BodyGrows(chunks, i + 1);
      var sum := len + |chunk|;
      if sum > U64_MAX {
        assert PassesAt(chunks, limit, i, U64_MAX);
        return Failure(TooLarge(U64_MAX, limit)), peak;
      }
      len := sum;
      if len > limit {
        assert PassesAt(chunks, limit, i, len);
        return Failure(TooLarge(len, limit)), peak;
      }
      if file.None? && |memory| + |chunk| > MEMORY_THRESHOLD {
        file := Some(memory);
        memory := [];
      }
      if !forceFile {
        PeakAfter(chunks, i, peak);
      }
      if file.Some? {
        file := Some(file.value + chunk);
      } else {
        memory := memory + chunk;
        if |memory| > peak {
          peak := |memory|;
        }
      }
    }
    assert chunks[..|chunks|] == chunks;
    if expectedLen.Some? && expectedLen.value != len {
      return Failure(LengthMismatch(expectedLen.value, len)), peak;
    }
    r := Success(Staged(if file.Some? then File(file.value) else Memory(memory), len));
  }
}
