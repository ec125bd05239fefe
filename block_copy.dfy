/**
 * Strided block copy between two half-complex layouts (`cpy` in
 * rdft/hc2hc-ditbuf.c).  Pointers are modelled as integer indices into one
 * array per memory block.
 */
module BlockCopy {

  /**
   * Where an n0 x n1 grid of (real, imaginary) pairs lives in one array.
   * Cell (i0, i1) has its real part at `re + i0*s0 + i1*s1` and its imaginary
   * part at the mirrored index `im - (i0*s0 + i1*s1)`: the imaginary strides
   * are the real strides negated, as half-complex storage walks the imaginary
   * parts backwards.
   */
  datatype Layout = Layout(re: int, im: int, s0: int, s1: int) {

    function Offset(i0: int, i1: int): int { i0 * s0 + i1 * s1 }

    function Re(i0: int, i1: int): int { re + Offset(i0, i1) }

    function Im(i0: int, i1: int): int { im - Offset(i0, i1) }

    /** Every location of the grid lies in an array of length `len`. */
    ghost predicate Fits(n0: nat, n1: nat, len: nat) {
      forall i0, i1 :: 0 <= i0 < n0 && 0 <= i1 < n1 ==>
        0 <= Re(i0, i1) < len && 0 <= Im(i0, i1) < len
    }

    /** No two locations of the grid coincide. */
    ghost predicate Disjoint(n0: nat, n1: nat) {
      forall i0, i1, j0, j1 ::
        0 <= i0 < n0 && 0 <= i1 < n1 && 0 <= j0 < n0 && 0 <= j1 < n1 ==>
          Re(i0, i1) != Im(j0, j1) &&
          (Re(i0, i1) == Re(j0, j1) ==> i0 == j0 && i1 == j1) &&
          (Im(i0, i1) == Im(j0, j1) ==> i0 == j0 && i1 == j1)
    }

    /**
     * `x` is a location of a cell that precedes (i0, i1) in the row-major
     * order in which `cpy` visits an n1-column grid.
     */
    ghost predicate Visited(n1: nat, i0: int, i1: int, x: int) {
      exists j0, j1 ::
        0 <= j0 && 0 <= j1 < n1 && (j0 < i0 || (j0 == i0 && j1 < i1)) &&
        (x == Re(j0, j1) || x == Im(j0, j1))
    }

    /** Moving one column (i1) or one row (i0) moves the cursors by one stride. */
    lemma Advance(i0: int, i1: int)
      ensures Re(i0, i1 + 1) == Re(i0, i1) + s1 && Im(i0, i1 + 1) == Im(i0, i1) - s1
      ensures Re(i0 + 1, 0) == Re(i0, 0) + s0 && Im(i0 + 1, 0) == Im(i0, 0) - s0
    {
    }

    /** In a disjoint grid, the two locations of cell (i0, i1) belong to no other cell. */
    lemma Separate(n0: nat, n1: nat, i0: int, i1: int)
      requires Disjoint(n0, n1) && 0 <= i0 < n0 && 0 <= i1 < n1
      ensures Re(i0, i1) != Im(i0, i1)
      ensures forall j0, j1 :: 0 <= j0 < n0 && 0 <= j1 < n1 && (j0 != i0 || j1 != i1) ==>
        Re(j0, j1) != Re(i0, i1) && Re(j0, j1) != Im(i0, i1) &&
        Im(j0, j1) != Re(i0, i1) && Im(j0, j1) != Im(i0, i1)
    {
    }

    /** `x` is a location of some cell of the n0 x n1 grid. */
    ghost predicate Covers(n0: nat, n1: nat, x: int) {
      Visited(n1, n0, 0, x)
    }
  }

  /**
   * Both layouts fit their sequences, and every cell of the n0 x n1 grid
   * holds the same pair at layout `lx` of `x` as at layout `ly` of `y`.
   */
  ghost predicate SameBlock<T>(n0: nat, n1: nat, x: seq<T>, lx: Layout, y: seq<T>, ly: Layout) {
    && lx.Fits(n0, n1, |x|) && ly.Fits(n0, n1, |y|)
    && forall i0, i1 :: 0 <= i0 < n0 && 0 <= i1 < n1 ==>
         x[lx.Re(i0, i1)] == y[ly.Re(i0, i1)] && x[lx.Im(i0, i1)] == y[ly.Im(i0, i1)]
  }

  /**
   * `dst` agrees with `src` on every cell visited before (i0, i1) and with
   * `dst0` everywhere else: the state `cpy` has reached at that point.
   */
  ghost predicate CopiedUpTo<T>(n0: nat, n1: nat, src: seq<T>, la: Layout, dst0: seq<T>, dst: seq<T>,
                                lb: Layout, i0: int, i1: int)
  {
    && |dst| == |dst0|
    && la.Fits(n0, n1, |src|) && lb.Fits(n0, n1, |dst|)
    && (forall j0, j1 :: 0 <= j0 < n0 && 0 <= j1 < n1 && (j0 < i0 || (j0 == i0 && j1 < i1)) ==>
          dst[lb.Re(j0, j1)] == src[la.Re(j0, j1)] && dst[lb.Im(j0, j1)] == src[la.Im(j0, j1)])
    && (forall x :: 0 <= x < |dst| && !lb.Visited(n1, i0, i1, x) ==> dst[x] == dst0[x])
  }

  /** Copying cell (i0, i1) extends the copied prefix by one cell. */
  lemma CopyCell<T>(n0: nat, n1: nat, src: seq<T>, la: Layout, dst0: seq<T>, dst: seq<T>,
                    lb: Layout, i0: int, i1: int)
    requires 0 <= i0 < n0 && 0 <= i1 < n1 && lb.Disjoint(n0, n1)
    requires CopiedUpTo(n0, n1, src, la, dst0, dst, lb, i0, i1)
    ensures CopiedUpTo(n0, n1, src, la, dst0,
                       dst[lb.Re(i0, i1) := src[la.Re(i0, i1)]][lb.Im(i0, i1) := src[la.Im(i0, i1)]],
                       lb, i0, i1 + 1)
  {
    lb.Separate(n0, n1, i0, i1);
    var dst' := dst[lb.Re(i0, i1) := src[la.Re(i0, i1)]][lb.Im(i0, i1) := src[la.Im(i0, i1)]];
    forall x | 0 <= x < |dst'| && !lb.Visited(n1, i0, i1 + 1, x)
      ensures dst'[x] == dst0[x]
    {
      assert x != lb.Re(i0, i1) && x != lb.Im(i0, i1);
      assert !lb.Visited(n1, i0, i1, x);
    }
  }

  /** A finished row: the copied prefix up to (i0, n1) is the one up to (i0 + 1, 0). */
  lemma NextRow<T>(n0: nat, n1: nat, src: seq<T>, la: Layout, dst0: seq<T>, dst: seq<T>,
                   lb: Layout, i0: int)
    requires CopiedUpTo(n0, n1, src, la, dst0, dst, lb, i0, n1)
    ensures CopiedUpTo(n0, n1, src, la, dst0, dst, lb, i0 + 1, 0)
  {
    forall x | 0 <= x < |dst| && !lb.Visited(n1, i0 + 1, 0, x)
      ensures dst[x] == dst0[x]
    {
      assert !lb.Visited(n1, i0, n1, x);
    }
  }

  /**
   * The inner loop of `cpy`: copies row i0 of the grid.  The column cursors
   * `pra`, `pia`, `prb`, `pib` start at the row cursors `rA`, `iA`, `rB`, `iB`.
   * `b0` is the destination as it was before the first row.
   */
  method CopyRow<T>(n0: nat, n1: nat, a: array<T>, la: Layout, b: array<T>, lb: Layout, i0: nat,
                     rA: int, iA: int, rB: int, iB: int, ghost b0: seq<T>)
    requires a != b && i0 < n0 && lb.Disjoint(n0, n1)
    requires rA == la.Re(i0, 0) && iA == la.Im(i0, 0) && rB == lb.Re(i0, 0) && iB == lb.Im(i0, 0)
    requires CopiedUpTo(n0, n1, a[..], la, b0, b[..], lb, i0, 0)
    modifies b
    ensures CopiedUpTo(n0, n1, a[..], la, b0, b[..], lb, i0 + 1, 0)
  {
    var pra, pia, prb, pib := rA, iA, rB, iB;
    var i1 := 0;
    while i1 < n1
      invariant 0 <= i1 <= n1
      invariant pra == la.Re(i0, i1) && pia == la.Im(i0, i1)
      invariant prb == lb.Re(i0, i1) && pib == lb.Im(i0, i1)
      invariant CopiedUpTo(n0, n1, a[..], la, b0, b[..], lb, i0, i1)
    {
      la.Advance(i0, i1);
      lb.Advance(i0, i1);
      CopyCell(n0, n1, a[..], la, b0, b[..], lb, i0, i1);
      ghost var before := b[..];
      var xr := a[pra];
      pra := pra + la.s1;
      var xi := a[pia];
      pia := pia - la.s1;
      b[prb] := xr;
      prb := prb + lb.s1;
      b[pib] := xi;
      pib := pib - lb.s1;
      assert b[..] == before[lb.Re(i0, i1) := xr][lb.Im(i0, i1) := xi];
      i1 := i1 + 1;
    }
    NextRow(n0, n1, a[..], la, b0, b[..], lb, i0);
  }

  /**
   * Copies the n0 x n1 grid at layout `la` of `a` to layout `lb` of `b`.
   * The row cursors `rA`, `iA`, `rB`, `iB` advance by the row strides, the
   * imaginary ones backwards; `CopyRow` walks each row.
   */
  method Cpy<T>(n0: nat, n1: nat, a: array<T>, la: Layout, b: array<T>, lb: Layout)
    requires a != b
    requires la.Fits(n0, n1, a.Length)
    requires lb.Fits(n0, n1, b.Length) && lb.Disjoint(n0, n1)
    modifies b
    ensures SameBlock(n0, n1, b[..], lb, a[..], la)
    ensures forall x :: 0 <= x < b.Length && !lb.Covers(n0, n1, x) ==> b[x] == old(b[x])
  {
    var rA, iA, rB, iB := la.re, la.im, lb.re, lb.im;
    var i0 := 0;
    while i0 < n0
      invariant 0 <= i0 <= n0
      invariant rA == la.Re(i0, 0) && iA == la.Im(i0, 0)
      invariant rB == lb.Re(i0, 0) && iB == lb.Im(i0, 0)
      invariant CopiedUpTo(n0, n1, a[..], la, old(b[..]), b[..], lb, i0, 0)
    {
      CopyRow(n0, n1, a, la, b, lb, i0, rA, iA, rB, iB, old(b[..]));
      la.Advance(i0, 0);
      lb.Advance(i0, 0);
      rA, iA := rA + la.s0, iA - la.s0;
      rB, iB := rB + lb.s0, iB - lb.s0;
      i0 := i0 + 1;
    }
  }
}
