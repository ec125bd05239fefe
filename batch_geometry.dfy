/**
 * The half-complex geometry of the batches `apply` hands to `doit`
 * (rdft/hc2hc-ditbuf.c): with the inner stride `iios = m*os` that `finish`
 * sets and a nonzero output stride, the real parts of a batch lie in the
 * middle columns 1 .. (m-1)/2 of each radix row and the imaginary parts in
 * the mirrored columns (m+1)/2 .. m-1, so no two locations of a batch
 * coincide.  If, in addition, each instance's span of columns 1 .. r*m-1
 * lies in memory, every batch call of `apply` fits: the requirement
 * `InstancesFit` that `Plans.Plan.Apply` places on its caller follows.
 */
module BatchGeometry {
  import opened BlockCopy
  import opened BatchDriver
  import opened StepApplier

  /**
   * The positions `base + os*t` of the first (t = 1) and last (t = r*m - 1)
   * output columns of the instance at `base` are in a memory of length `len`.
   */
  predicate Spans(p: StepParams, base: int, len: nat) {
    0 <= base + p.os < len && 0 <= base + p.os * (p.r * p.m - 1) < len
  }

  /** A nonzero factor can be cancelled. */
  lemma MulCancel(os: int, x: int, y: int)
    requires os != 0
    ensures os * x == os * y <==> x == y
  {
    if x != y {
      assert os * x - os * y == os * (x - y);
      assert os * (x - y) != 0;
    }
  }

  /** Between the columns 1 and `hi`, `os*t` lies between `os` and `os*hi`. */
  lemma Between(os: int, t: int, hi: int)
    requires 1 <= t <= hi
    ensures os >= 0 ==> os <= os * t <= os * hi
    ensures os < 0 ==> os * hi <= os * t <= os
  {
    if os >= 0 {
      assert os * t - os == os * (t - 1);
      assert os * hi - os * t == os * (hi - t);
    } else {
      assert os - os * t == (-os) * (t - 1);
      assert os * t - os * hi == (-os) * (hi - t);
    }
  }

  /**
   * Cell (i0, i1) of the batch that starts after `c0` middle columns has its
   * real part at column `1 + c0 + i1` of radix row i0 and its imaginary part
   * at the mirrored column `r*m - 1 - c0 - i1 - i0*m`.
   */
  lemma CellColumns(p: StepParams, base: int, k: nat, size: nat, i0: int, i1: int)
    requires p.iios == p.m * p.os
    ensures BlockOf(BatchAt(p, base, k, size)).Re(i0, i1)
              == base + p.os * (1 + BatchSize * k + i1 + i0 * p.m)
    ensures BlockOf(BatchAt(p, base, k, size)).Im(i0, i1)
              == base + p.os * (p.r * p.m - 1 - BatchSize * k - i1 - i0 * p.m)
  {
    var L := BlockOf(BatchAt(p, base, k, size));
    assert L.Offset(i0, i1) == p.os * (i0 * p.m + i1);
    CursorOffset(p.os, k);
  }

  /** The imaginary column `r*m - 1 - c - j0*m` is column `m - 1 - c` of radix row `r - 1 - j0`. */
  lemma Mirror(r: nat, m: nat, j0: int, c: int)
    ensures r * m - 1 - c - j0 * m == (m - 1 - c) + (r - 1 - j0) * m
  {
  }

  /** Radix row i0 starts at column `i0*m`, at most `r*m - m`. */
  lemma RowStart(r: nat, m: nat, i0: int)
    requires 0 <= i0 < r
    ensures 0 <= i0 * m <= r * m - m
  {
    MulLe(0, i0, m);
    MulLe(i0, r - 1, m);
  }

  /** A real column `1 + c + i0*m` is never an imaginary column `r*m - 1 - c' - j0*m`. */
  lemma RealNotImaginary(r: nat, m: nat, i0: int, c: int, j0: int, c': int)
    requires m >= 1 && 0 <= i0 < r && 0 <= j0 < r
    requires 0 <= c < Pairs(m) && 0 <= c' < Pairs(m)
    ensures 1 + c + i0 * m != r * m - 1 - c' - j0 * m
  {
    Mirror(r, m, j0, c');
    if 1 + c + i0 * m == (m - 1 - c') + (r - 1 - j0) * m {
      RowMajorUnique(m, 1 + c, i0, m - 1 - c', r - 1 - j0);
      assert false;
    }
  }

  /** A real column determines its radix row and middle column. */
  lemma RealUnique(m: nat, i0: int, c: int, j0: int, c': int)
    requires m >= 1 && 0 <= i0 && 0 <= j0
    requires 0 <= c < Pairs(m) && 0 <= c' < Pairs(m)
    ensures 1 + c + i0 * m == 1 + c' + j0 * m ==> i0 == j0 && c == c'
  {
    if 1 + c + i0 * m == 1 + c' + j0 * m {
      RowMajorUnique(m, 1 + c, i0, 1 + c', j0);
    }
  }

  /** An imaginary column determines its radix row and middle column. */
  lemma ImaginaryUnique(r: nat, m: nat, i0: int, c: int, j0: int, c': int)
    requires m >= 1 && 0 <= i0 < r && 0 <= j0 < r
    requires 0 <= c < Pairs(m) && 0 <= c' < Pairs(m)
    ensures r * m - 1 - c - i0 * m == r * m - 1 - c' - j0 * m ==> i0 == j0 && c == c'
  {
    Mirror(r, m, i0, c);
    Mirror(r, m, j0, c');
    if (m - 1 - c) + (r - 1 - i0) * m == (m - 1 - c') + (r - 1 - j0) * m {
      RowMajorUnique(m, m - 1 - c, r - 1 - i0, m - 1 - c', r - 1 - j0);
    }
  }

  /** Both the real and the imaginary column of a cell lie between 1 and r*m - 1. */
  lemma ColumnBounds(r: nat, m: nat, i0: int, c: int)
    requires m >= 1 && 0 <= i0 < r && 0 <= c < Pairs(m)
    ensures 1 <= 1 + c + i0 * m <= r * m - 1
    ensures 1 <= r * m - 1 - c - i0 * m <= r * m - 1
  {
    RowStart(r, m, i0);
  }

  /**
   * A batch that starts after `BATCHSZ*k` middle columns and stays within
   * the (m-1)/2 middle columns fits a memory the instance spans, and no two
   * of its locations coincide.
   */
  lemma BatchInRange(p: StepParams, base: int, len: nat, k: nat, size: nat)
    requires p.m >= 1 && p.os != 0 && p.iios == p.m * p.os
    requires BatchSize * k + size <= Pairs(p.m) && Spans(p, base, len)
    ensures BatchFits(BatchAt(p, base, k, size), p.r, len)
  {
    var L := BlockOf(BatchAt(p, base, k, size));
    var hi := p.r * p.m - 1;
    forall i0, i1 | 0 <= i0 < p.r && 0 <= i1 < size
      ensures 0 <= L.Re(i0, i1) < len && 0 <= L.Im(i0, i1) < len
    {
      var c := BatchSize * k + i1;
      CellColumns(p, base, k, size, i0, i1);
      ColumnBounds(p.r, p.m, i0, c);
      Between(p.os, 1 + c + i0 * p.m, hi);
      Between(p.os, hi - c - i0 * p.m, hi);
    }
    forall i0, i1, j0, j1 | 0 <= i0 < p.r && 0 <= i1 < size && 0 <= j0 < p.r && 0 <= j1 < size
      ensures L.Re(i0, i1) != L.Im(j0, j1)
      ensures L.Re(i0, i1) == L.Re(j0, j1) ==> i0 == j0 && i1 == j1
      ensures L.Im(i0, i1) == L.Im(j0, j1) ==> i0 == j0 && i1 == j1
    {
      var c, c' := BatchSize * k + i1, BatchSize * k + j1;
      CellColumns(p, base, k, size, i0, i1);
      CellColumns(p, base, k, size, j0, j1);
      RealNotImaginary(p.r, p.m, i0, c, j0, c');
      RealUnique(p.m, i0, c, j0, c');
      ImaginaryUnique(p.r, p.m, i0, c, j0, c');
      MulCancel(p.os, 1 + c + i0 * p.m, hi - c' - j0 * p.m);
      MulCancel(p.os, 1 + c + i0 * p.m, 1 + c' + j0 * p.m);
      MulCancel(p.os, hi - c - i0 * p.m, hi - c' - j0 * p.m);
    }
  }

  /** The k-th batch of the partition of j columns ends within the j columns. */
  lemma PartitionWithin(j: nat, k: nat)
    requires k < |Partition(j)|
    ensures BatchSize * k + Partition(j)[k] <= j
  {
    if k < j / BatchSize {
      assert Partition(j)[k] == BatchSize;
    } else {
      assert k == j / BatchSize && Partition(j)[k] == j % BatchSize;
    }
  }

  lemma {:induction false} CallsFitEach(calls: seq<Event>, r: nat, len: nat)
    requires forall k :: 0 <= k < |calls| ==> BatchFits(calls[k], r, len)
    ensures CallsFit(calls, r, len)
    decreases |calls|
  {
    if |calls| > 0 {
      assert forall k :: 0 <= k < |calls[1..]| ==> calls[1..][k] == calls[k + 1];
      CallsFitEach(calls[1..], r, len);
    }
  }

  /** Every batch call of an instance whose span lies in memory fits. */
  lemma InstanceInRange(p: StepParams, base: int, len: nat)
    requires p.m >= 1 && p.os != 0 && p.iios == p.m * p.os && Spans(p, base, len)
    ensures InstanceFits(p, base, len)
  {
    var P := Partition(Pairs(p.m));
    var bs := BatchCalls(p, base);
    forall k | 0 <= k < |bs|
      ensures BatchFits(bs[k], p.r, len)
    {
      PartitionWithin(Pairs(p.m), k);
      BatchInRange(p, base, len, k, P[k]);
    }
    CallsFitEach(bs, p.r, len);
  }

  /**
   * With `iios = m*os` and `os != 0`, the first n instances fit a memory of
   * length `len` as soon as each of them spans columns inside it.
   */
  lemma {:induction false} InstancesInRange(p: StepParams, O: int, n: nat, len: nat)
    requires p.m >= 1 && p.os != 0 && p.iios == p.m * p.os
    requires forall i :: 0 <= i < n ==> Spans(p, InstanceBase(p, O, i), len)
    ensures InstancesFit(p, O, n, len)
    decreases n
  {
    if n > 0 {
      InstancesInRange(p, O, n - 1, len);
      InstanceInRange(p, InstanceBase(p, O, n - 1), len);
    }
  }
}
