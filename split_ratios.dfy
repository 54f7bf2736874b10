/** The counts of src/split_and_copy_dataset.py.py (lines 36-39, 51-54):
    the three ratios are divided by their sum, and the train and valid
    counts are `int(total_count * ratio)`; the test set takes the rest. */
module SplitRatios {

  /** `int(total_count * (ratio / total_ratio))` for a non-negative ratio
      and a positive sum: the whole part of the scaled ratio, never more than
      the scaled ratio itself. */
  function Share(total: nat, ratio: real, sum: real): (k: nat)
    requires 0.0 <= ratio && 0.0 < sum
    ensures k as real <= total as real * (ratio / sum)
  {
    ScaledNonNegative(total, ratio / sum);
    (total as real * (ratio / sum)).Floor
  }

  lemma ScaledNonNegative(n: nat, a: real)
    requires 0.0 <= a
    ensures 0.0 <= n as real * a
  {
  }

  /** The train and valid shares add up to at most the total when the test
      ratio is non-negative. */
  lemma SharesFit(total: nat, trainRatio: real, validRatio: real, testRatio: real)
    requires 0.0 <= trainRatio && 0.0 <= validRatio
    requires trainRatio + validRatio + testRatio > 0.0
    ensures var sum := trainRatio + validRatio + testRatio;
            0.0 <= testRatio ==> Share(total, trainRatio, sum) + Share(total, validRatio, sum) <= total
  {
    var sum := trainRatio + validRatio + testRatio;
    if 0.0 <= testRatio {
      var n := total as real;
      var a, b := trainRatio / sum, validRatio / sum;
      assert a + b == (trainRatio + validRatio) / sum;
      assert a + b <= 1.0;
      assert n * a + n * b == n * (a + b);
      assert n * (a + b) <= n;
      var t, v := Share(total, trainRatio, sum), Share(total, validRatio, sum);
      assert t as real + v as real <= n;
    }
  }

  /** Lines 36-39: dividing by the sum keeps non-negative train and valid
      ratios non-negative, and with a non-negative test ratio the two
      normalised ratios add up to at most one. */
  lemma NormalizedSum(trainRatio: real, validRatio: real, testRatio: real)
    requires 0.0 <= trainRatio && 0.0 <= validRatio
    requires trainRatio + validRatio + testRatio > 0.0
    ensures var sum := trainRatio + validRatio + testRatio;
            && 0.0 <= trainRatio / sum && 0.0 <= validRatio / sum
            && (0.0 <= testRatio ==> trainRatio / sum + validRatio / sum <= 1.0)
  {
    var sum := trainRatio + validRatio + testRatio;
    assert trainRatio / sum + validRatio / sum == (trainRatio + validRatio) / sum;
  }

  /** Lines 36-39 and 51-53: the ratios divided by their sum, and
      `train_count`, `valid_count` as `int(total_count * ratio)`, which for
      these non-negative products is the whole part. With a non-negative test
      ratio the two counts never exceed the total, so `test_count` is never
      negative; a negative test ratio can push them past the total, and the
      slices then clamp. */
  function SplitCounts(total: nat, trainRatio: real, validRatio: real, testRatio: real): (r: (nat, nat))
    requires 0.0 <= trainRatio && 0.0 <= validRatio
    requires trainRatio + validRatio + testRatio > 0.0
    ensures 0.0 <= testRatio ==> r.0 + r.1 <= total
    ensures 0.0 <= testRatio ==> TestCount(total, r.0, r.1) >= 0
  {
    var sum := trainRatio + validRatio + testRatio;
    SharesFit(total, trainRatio, validRatio, testRatio);
    (Share(total, trainRatio, sum), Share(total, validRatio, sum))
  }

  /** A negative test ratio alone is accepted: 0.7, 0.5 and -0.2 on 10 images
      give 7 train and 5 valid images, more than there are, and a test count
      of -2. */
  lemma NegativeTestRatioOverruns()
    ensures SplitCounts(10, 0.7, 0.5, -0.2) == (7, 5)
    ensures TestCount(10, 7, 5) == -2
  {
  }

  /** The default ratios 0.7, 0.15 and 0.15 on 7000 images give 4900 train,
      1050 valid and 1050 test images. */
  lemma DefaultRatiosOnSevenThousand()
    ensures SplitCounts(7000, 0.7, 0.15, 0.15) == (4900, 1050)
    ensures TestCount(7000, 4900, 1050) == 1050
  {
  }

  /** `test_count = total_count - train_count - valid_count` (line 54). */
  function TestCount(total: nat, trainCount: nat, validCount: nat): int
  {
    total - trainCount - validCount
  }
}
