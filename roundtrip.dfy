/**
 * The checks `run_roundtrip_test` of tools/rsync/api_test.go applies to
 * the rsync engine's output: `test_equal`, which reports where the output
 * first differs from the expected data, and the bound on how many literal
 * bytes a delta may carry.
 */
module RoundtripTest {
  import opened Wrappers
  import opened Go
  import opened Utils

  /** The first index where `a` and `b` differ, or the shorter length when one is a prefix of the other. */
  function FirstMismatch(a: seq<Byte>, b: seq<Byte>): (k: nat)
    ensures k <= |a| && k <= |b|
    ensures a[..k] == b[..k]
    ensures k < |a| && k < |b| ==> a[k] != b[k]
    decreases |a|
  {
    if |a| == 0 || |b| == 0 || a[0] != b[0] then 0
    else
      var k := 1 + FirstMismatch(a[1..], b[1..]);
      assert a[..k] == [a[0]] + a[1..][..k - 1];
      assert b[..k] == [b[0]] + b[1..][..k - 1];
      k
  }

  /** Only one index meets the description of the first difference. */
  lemma FirstMismatchUnique(a: seq<Byte>, b: seq<Byte>, k: nat)
    requires k <= |a| && k <= |b| && a[..k] == b[..k]
    requires k < |a| && k < |b| ==> a[k] != b[k]
    ensures k == FirstMismatch(a, b)
  {
  }

  /** Two byte strings are equal exactly when they have the same length and no differing index below it. */
  lemma EqualIffNoMismatch(a: seq<Byte>, b: seq<Byte>)
    ensures a == b <==> (|a| == |b| && FirstMismatch(a, b) == |a|)
  {
    var k := FirstMismatch(a, b);
    if |a| == |b| && k == |a| {
      assert a == a[..k] && b == b[..k];
    }
  }

  /**
   * The scan in `test_equal`: start from the shorter length and stop at
   * the first index where the bytes differ.
   */
  method FirstDifference(srcData: seq<Byte>, output: seq<Byte>) returns (firstDiff: nat)
    ensures firstDiff == FirstMismatch(srcData, output)
  {
    firstDiff := Min(|srcData|, |output|);
    var i := 0;
    while i < firstDiff
      invariant i <= firstDiff == Min(|srcData|, |output|)
      invariant srcData[..i] == output[..i]
    {
      if srcData[i] != output[i] {
        firstDiff := i;
        break;
      }
      assert srcData[..i + 1] == srcData[..i] + [srcData[i]];
      assert output[..i + 1] == output[..i] + [output[i]];
      i := i + 1;
    }
    FirstMismatchUnique(srcData, output, firstDiff);
  }

  /** What `test_equal` reports on a mismatch: the length difference and the first differing index. */
  datatype Mismatch = Mismatch(extraBytes: int, firstDiff: nat)

  /** `test_equal`: nothing when the output equals the expected data, otherwise the mismatch report. */
  method TestEqual(srcData: seq<Byte>, output: seq<Byte>) returns (failure: Option<Mismatch>)
    ensures failure.None? <==> srcData == output
    ensures failure.Some? ==>
      failure.value == Mismatch(|output| - |srcData|, FirstMismatch(srcData, output))
  {
    if srcData != output {
      var firstDiff := FirstDifference(srcData, output);
      failure := Some(Mismatch(|output| - |srcData|, firstDiff));
    } else {
      failure := None;
    }
  }

  /**
   * A reported mismatch always says something: either a differing byte
   * inside both buffers, or a nonzero length difference.
   */
  lemma MismatchInformative(srcData: seq<Byte>, output: seq<Byte>)
    requires srcData != output
    ensures var k := FirstMismatch(srcData, output);
            (k < |srcData| && k < |output| && srcData[k] != output[k]) || |output| - |srcData| != 0
  {
    EqualIffNoMismatch(srcData, output);
  }

  /** `limit := 2 * (blockSize * numOfPatches)` in 64-bit Go `int` arithmetic. */
  function DeltaLimit(blockSize: int, numOfPatches: int): (limit: int)
    ensures MinInt64 <= limit <= MaxInt64
  {
    Wrap64(2 * Wrap64(blockSize * numOfPatches))
  }

  /** The efficiency check fires: the limit is not negative and the delta carried more literal data than it. */
  predicate PoorDeltaPerformance(blockSize: int, numOfPatches: int, totalDataInDelta: int)
    ensures PoorDeltaPerformance(blockSize, numOfPatches, totalDataInDelta) ==> totalDataInDelta > 0
    ensures totalDataInDelta <= 0 ==> !PoorDeltaPerformance(blockSize, numOfPatches, totalDataInDelta)
  {
    var limit := DeltaLimit(blockSize, numOfPatches);
    limit > -1 && totalDataInDelta > limit
  }

  /** Without overflow the limit is twice the block size per patch. */
  lemma DeltaLimitExact(blockSize: int, numOfPatches: int, product: int)
    requires product == blockSize * numOfPatches
    requires MinInt64 <= 2 * product <= MaxInt64
    ensures DeltaLimit(blockSize, numOfPatches) == 2 * product
  {
  }

  /**
   * With a positive block size and no overflow, the check fires exactly
   * when at least zero patches are claimed and the delta exceeds twice
   * the block size per patch.
   */
  lemma PoorDeltaPerformanceIff(blockSize: int, numOfPatches: int, totalDataInDelta: int, product: int)
    requires 0 < blockSize && product == blockSize * numOfPatches
    requires MinInt64 <= 2 * product <= MaxInt64
    ensures PoorDeltaPerformance(blockSize, numOfPatches, totalDataInDelta)
        <==> (0 <= numOfPatches && totalDataInDelta > 2 * product)
  {
    DeltaLimitExact(blockSize, numOfPatches, product);
    if numOfPatches < 0 {
      assert product <= -blockSize by {
        assert product == blockSize * numOfPatches <= blockSize * -1;
      }
    } else {
      assert product >= 0;
    }
  }

  /** `num_of_patches = -1` switches the check off, whatever the delta size. */
  lemma NoPatchesClaimedDisablesCheck(blockSize: int, totalDataInDelta: int)
    requires 0 < blockSize && 2 * blockSize <= MaxInt64
    ensures !PoorDeltaPerformance(blockSize, -1, totalDataInDelta)
  {
    DeltaLimitExact(blockSize, -1, -blockSize);
  }

  /** With `num_of_patches = 0` the delta may carry no literal data at all. */
  lemma ZeroPatchesAllowNoLiteralData(blockSize: int, totalDataInDelta: int)
    ensures PoorDeltaPerformance(blockSize, 0, totalDataInDelta) <==> totalDataInDelta > 0
  {
    DeltaLimitExact(blockSize, 0, 0);
  }

  /** A block size times patch count that overflows can wrap the limit negative and switch the check off. */
  lemma DeltaLimitWraps(totalDataInDelta: int)
    ensures DeltaLimit(0x4000_0000_0000_0000, 1) == MinInt64
    ensures !PoorDeltaPerformance(0x4000_0000_0000_0000, 1, totalDataInDelta)
  {
  }
}
