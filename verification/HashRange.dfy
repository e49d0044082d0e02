/**
 How a 63-bit hash picks a worker: equal consecutive ranges, and exactly which hashes fall outside.
 */
module HashRange {

  const SPACE: nat := 0x8000_0000_0000_0000

  /** The length of one worker's range. */
  function RingStep(workers: nat): (step: nat)
    requires 1 <= workers <= SPACE
    ensures 1 <= step && workers * step <= SPACE < workers * step + workers
  {
    StepFits(SPACE, workers);
    SPACE / workers
  }

  lemma StepFits(space: nat, workers: nat)
    requires 1 <= workers <= space
    ensures 1 <= space / workers && workers * (space / workers) <= space < workers * (space / workers) + workers
  {
    assert space == workers * (space / workers) + space % workers;
  }

  function WorkerIndex(hash: nat, workers: nat): nat
    requires 1 <= workers <= SPACE
  {
    hash / RingStep(workers)
  }

  lemma QuotientBounds(hash: nat, step: nat)
    requires step >= 1
    ensures var q := hash / step; q * step <= hash < (q + 1) * step
  {
    assert hash == step * (hash / step) + hash % step;
  }

  lemma MulMonotone(a: nat, b: nat, step: nat)
    requires a <= b
    ensures a * step <= b * step
  {
  }

  /** Worker i serves the i-th of equal consecutive ranges. */
  lemma EqualRanges(hash: nat, workers: nat, i: nat)
    requires 1 <= workers <= SPACE
    ensures var step := RingStep(workers);
            WorkerIndex(hash, workers) == i <==> i * step <= hash < (i + 1) * step
  {
    hide RingStep;
    var step := RingStep(workers);
    var q := hash / step;
    QuotientBounds(hash, step);
    if i < q {
      MulMonotone(i + 1, q, step);
    } else if q < i {
      MulMonotone(q + 1, i, step);
    }
  }

  lemma Monotone(h: nat, h': nat, workers: nat)
    requires 1 <= workers <= SPACE && h <= h'
    ensures WorkerIndex(h, workers) <= WorkerIndex(h', workers)
  {
    hide RingStep;
    var step := RingStep(workers);
    QuotientBounds(h, step);
    QuotientBounds(h', step);
    if h / step > h' / step {
      MulMonotone(h' / step + 1, h / step, step);
    }
  }

  /** A hash has a worker exactly when it lies below the last range's end; the hashes above it are the
      remainder of dividing the space among the workers. */
  lemma HasWorkerIff(hash: nat, workers: nat)
    requires 1 <= workers <= SPACE && hash < SPACE
    ensures WorkerIndex(hash, workers) < workers <==> hash < workers * RingStep(workers)
    ensures SPACE - workers * RingStep(workers) == SPACE % workers
  {
    var step := RingStep(workers);
    assert SPACE == workers * (SPACE / workers) + SPACE % workers;
    hide RingStep;
    QuotientBounds(hash, step);
    if hash / step < workers {
      MulMonotone(hash / step + 1, workers, step);
    } else {
      MulMonotone(workers, hash / step, step);
    }
  }

  // ----- Powers of two -----

  function Pow2(k: nat): nat {
    if k == 0 then 1 else 2 * Pow2(k - 1)
  }

  ghost predicate IsPow2(n: nat) {
    exists k: nat :: n == Pow2(k)
  }

  predicate Divides(d: nat, n: nat)
    requires d >= 1
  {
    n % d == 0
  }

  lemma DividesAsProduct(d: nat, q: nat)
    requires d >= 1
    ensures Divides(d, d * q)
  {
    var n := d * q;
    assert n == d * (n / d) + n % d;
    hide Divides;
    Whole(d, q, n / d, n % d);
  }

  lemma Whole(d: nat, q: nat, m: nat, r: nat)
    requires r < d && q * d == m * d + r
    ensures r == 0
  {
    if m < q {
      MulMonotone(m + 1, q, d);
    } else if q < m {
      MulMonotone(q + 1, m, d);
    }
  }

  /** The divisors of a power of two are the powers of two up to it. */
  lemma {:induction false} DivisorsOfPow2(d: nat, k: nat)
    requires d >= 1 && Divides(d, Pow2(k))
    ensures IsPow2(d)
  {
    if k == 0 {
      assert d == Pow2(0);
    } else {
      var q := Pow2(k) / d;
      assert d * q == Pow2(k);
      if d % 2 == 0 {
        var half := d / 2;
        assert 2 * (half * q) == Pow2(k);
        assert half * q == Pow2(k - 1);
        DividesAsProduct(half, q);
        DivisorsOfPow2(half, k - 1);
        var j: nat :| half == Pow2(j);
        assert d == Pow2(j + 1);
      } else {
        OddFactor(d, q, Pow2(k - 1));
        DividesAsProduct(d, q / 2);
        DivisorsOfPow2(d, k - 1);
      }
    }
  }

  lemma OddFactor(d: nat, q: nat, n: nat)
    requires d % 2 == 1 && d * q == 2 * n
    ensures d * (q / 2) == n
  {
    var h := d / 2;
    assert d == 2 * h + 1;
    assert d * q == 2 * (h * q) + q;
    assert q % 2 == 0;
    var g := q / 2;
    assert d * q == 2 * (d * g);
  }

  lemma {:induction false} Pow2Splits(j: nat, k: nat)
    ensures Pow2(j + k) == Pow2(j) * Pow2(k)
  {
    if j == 0 {
    } else {
      Pow2Splits(j - 1, k);
      assert Pow2(j) * Pow2(k) == 2 * (Pow2(j - 1) * Pow2(k));
    }
  }

  lemma {:induction false} Pow2Grows(j: nat, k: nat)
    requires j <= k
    ensures 1 <= Pow2(j) <= Pow2(k)
    ensures j < k ==> Pow2(j) < Pow2(k)
  {
    if j < k {
      Pow2Grows(j, k - 1);
    } else if j > 0 {
      Pow2Grows(j - 1, k - 1);
    }
  }

  lemma SpaceIsPow2()
    ensures SPACE == Pow2(63)
  {
    assert Pow2(8) == 0x100;
    Pow2Splits(8, 8);
    Pow2Splits(16, 16);
    Pow2Splits(32, 31);
    Pow2Splits(16, 15);
    assert Pow2(7) == 0x80;
    Pow2Splits(8, 7);
  }

  /** Every hash has a worker exactly when the number of workers is a power of two. */
  lemma EveryHashHasWorkerIff(workers: nat)
    requires 1 <= workers <= SPACE
    ensures (forall hash: nat :: hash < SPACE ==> WorkerIndex(hash, workers) < workers) <==> IsPow2(workers)
  {
    hide RingStep, WorkerIndex;
    SpaceIsPow2();
    var step := RingStep(workers);
    if forall hash: nat :: hash < SPACE ==> WorkerIndex(hash, workers) < workers {
      HasWorkerIff(SPACE - 1, workers);
      assert WorkerIndex(SPACE - 1, workers) < workers;
      DividesAsProduct(workers, step);
      DivisorsOfPow2(workers, 63);
    }
    if IsPow2(workers) {
      var k: nat :| workers == Pow2(k);
      if k > 63 {
        Pow2Grows(63, k);
      }
      Pow2Splits(k, 63 - k);
      DividesAsProduct(workers, Pow2(63 - k));
      forall hash: nat | hash < SPACE
        ensures WorkerIndex(hash, workers) < workers
      {
        HasWorkerIff(hash, workers);
      }
    }
  }
}
