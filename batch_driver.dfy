/**
 * The batch butterfly driver (`doit` in rdft/hc2hc-ditbuf.c): stage a block
 * of r x b columns in a small scratch buffer with a fixed layout, run the
 * codelet on the buffer, and copy the block back.
 */
module BatchDriver {
  import opened BlockCopy

  /** Number of columns one buffered codelet call handles (`BATCHSZ`). */
  const BatchSize: nat := 4

  /** The width a batch of b columns passes to the codelet, `2*b + 1`. */
  function Width(b: nat): int {
    2 * b + 1
  }

  /** The stride descriptor `mkstride(n, s)` builds; its contents are not modelled. */
  datatype Stride = Stride(n: nat, s: int)

  /**
   * A radix-r half-complex codelet, as `doit` uses it.  `run` gives what the
   * codelet leaves in the staged part of the scratch buffer (its first
   * `2*b*r` slots) from what it finds there, the twiddle position, the buffer
   * stride descriptor, the width `2*b + 1` and the radix; `advance` gives
   * the twiddle position it returns.
   */
  datatype Codelet<!T(!new)> = Codelet(run: (seq<T>, int, Stride, int, nat) -> seq<T>,
                                advance: (int, int, nat) -> int)
  {
    /** The codelet works in place: it leaves a buffer of the same length. */
    ghost predicate InPlace() {
      forall s, w, vs, width, radix :: |run(s, w, vs, width, radix)| == |s|
    }
  }

  /**
   * The scratch layout for a batch of b columns: real parts at `i0 + i1*r`,
   * imaginary parts mirrored from `2*b*r - 1`.
   */
  function BufferLayout(r: nat, b: nat): Layout {
    Layout(0, 2 * b * r - 1, 1, r)
  }

  /** Length of the scratch buffer `apply` allocates, `r * BATCHSZ * 2`. */
  function ScratchSize(r: nat): nat {
    r * BatchSize * 2
  }

  lemma MulLe(a: int, b: int, c: nat)
    requires a <= b
    ensures a * c <= b * c
  {
  }

  /** A row-major index below r columns per row stays below b rows. */
  lemma RowMajorBelow(r: nat, b: nat, i0: int, i1: int)
    requires 0 <= i0 < r && 0 <= i1 < b
    ensures 0 <= i0 + i1 * r < b * r
  {
    MulLe(0, i1, r);
    MulLe(i1 + 1, b, r);
  }

  /** Row-major indexing with r columns per row is one-to-one. */
  lemma RowMajorUnique(r: nat, i0: int, i1: int, j0: int, j1: int)
    requires 0 <= i0 < r && 0 <= j0 < r && 0 <= i1 && 0 <= j1
    requires i0 + i1 * r == j0 + j1 * r
    ensures i0 == j0 && i1 == j1
  {
    if i1 < j1 {
      MulLe(i1 + 1, j1, r);
    } else if j1 < i1 {
      MulLe(j1 + 1, i1, r);
    }
  }

  /**
   * In the scratch layout the real part of every cell lies in [0, b*r) and
   * the imaginary part in [b*r, 2*b*r).
   */
  lemma {:induction false} BufferSlots(r: nat, b: nat, i0: int, i1: int)
    requires 0 <= i0 < r && 0 <= i1 < b
    ensures 0 <= BufferLayout(r, b).Re(i0, i1) < b * r
    ensures b * r <= BufferLayout(r, b).Im(i0, i1) < 2 * b * r
  {
    RowMajorBelow(r, b, i0, i1);
  }

  /**
   * For a batch of at most BATCHSZ columns the scratch layout fits the
   * buffer `apply` allocates, and no two of its locations coincide.
   */
  lemma {:induction false} BufferLayoutSound(r: nat, b: nat)
    requires b <= BatchSize
    ensures BufferLayout(r, b).Fits(r, b, ScratchSize(r))
    ensures BufferLayout(r, b).Disjoint(r, b)
  {
    var l := BufferLayout(r, b);
    MulLe(b, BatchSize, r);
    forall i0, i1 | 0 <= i0 < r && 0 <= i1 < b
      ensures 0 <= l.Re(i0, i1) < ScratchSize(r) && 0 <= l.Im(i0, i1) < ScratchSize(r)
    {
      BufferSlots(r, b, i0, i1);
    }
    forall i0, i1, j0, j1 | 0 <= i0 < r && 0 <= i1 < b && 0 <= j0 < r && 0 <= j1 < b
      ensures l.Re(i0, i1) != l.Im(j0, j1)
      ensures l.Re(i0, i1) == l.Re(j0, j1) ==> i0 == j0 && i1 == j1
      ensures l.Im(i0, i1) == l.Im(j0, j1) ==> i0 == j0 && i1 == j1
    {
      BufferSlots(r, b, i0, i1);
      BufferSlots(r, b, j0, j1);
      if l.Re(i0, i1) == l.Re(j0, j1) || l.Im(i0, i1) == l.Im(j0, j1) {
        RowMajorUnique(r, i0, i1, j0, j1);
      }
    }
  }

  /**
   * Every slot of [0, 2*b*r) holds a cell of the batch, so the two halves
   * of the scratch layout fill that range exactly.
   */
  lemma {:induction false} BufferFilled(r: nat, b: nat, p: int)
    requires 0 <= p < 2 * b * r
    ensures BufferLayout(r, b).Covers(r, b, p)
  {
    var l := BufferLayout(r, b);
    var q := if p < b * r then p else 2 * b * r - 1 - p;
    assert 0 <= q < b * r;
    var i0, i1 := q % r, q / r;
    assert q == i0 + i1 * r;
    if i1 >= b {
      MulLe(b, i1, r);
    }
    assert p == l.Re(i0, i1) || p == l.Im(i0, i1);
  }

  /** Nothing at or beyond 2*b*r belongs to the scratch layout of b columns. */
  lemma {:induction false} BufferOnly(r: nat, b: nat, p: int)
    requires p >= 2 * b * r
    ensures !BufferLayout(r, b).Covers(r, b, p)
  {
    if BufferLayout(r, b).Covers(r, b, p) {
      var j0, j1 :| 0 <= j0 < r && 0 <= j1 < b &&
        (p == BufferLayout(r, b).Re(j0, j1) || p == BufferLayout(r, b).Im(j0, j1));
      BufferSlots(r, b, j0, j1);
    }
  }

  /** No slot at or beyond 2*b*r belongs to the scratch layout of b columns. */
  lemma BeyondBatch(r: nat, b: nat)
    ensures forall p :: p >= 2 * b * r ==> !BufferLayout(r, b).Covers(r, b, p)
  {
    forall p | p >= 2 * b * r
      ensures !BufferLayout(r, b).Covers(r, b, p)
    {
      BufferOnly(r, b, p);
    }
  }

  /** The codelet's result replaces the staged part of the buffer in place. */
  method OverwritePrefix<T>(buf: array<T>, out: seq<T>)
    requires |out| <= buf.Length
    modifies buf
    ensures buf[..|out|] == out && buf[|out|..] == old(buf[|out|..])
  {
    forall p | 0 <= p < |out| {
      buf[p] := out[p];
    }
  }

  lemma DivBelow(q: int, r: nat, b: nat)
    requires 0 <= q < b * r
    ensures 0 <= q / r < b && 0 <= q % r < r && q == q % r + (q / r) * r
  {
    if q / r >= b {
      MulLe(b, q / r, r);
    }
  }

  /**
   * The cell whose real or imaginary part the scratch layout of b columns
   * puts in slot p: the inverse of `BufferLayout`.
   */
  function SlotCell(r: nat, b: nat, p: int): (c: (int, int))
    requires 0 <= p < 2 * b * r
    ensures 0 <= c.0 < r && 0 <= c.1 < b
    ensures p < b * r ==> BufferLayout(r, b).Re(c.0, c.1) == p
    ensures p >= b * r ==> BufferLayout(r, b).Im(c.0, c.1) == p
  {
    var q := if p < b * r then p else 2 * b * r - 1 - p;
    DivBelow(q, r, b);
    (q % r, q / r)
  }

  /** `SlotCell` recovers the cell from either of its two slots. */
  lemma {:induction false} SlotCellOf(r: nat, b: nat, i0: int, i1: int)
    requires 0 <= i0 < r && 0 <= i1 < b
    ensures 0 <= BufferLayout(r, b).Re(i0, i1) < b * r && SlotCell(r, b, BufferLayout(r, b).Re(i0, i1)) == (i0, i1)
    ensures b * r <= BufferLayout(r, b).Im(i0, i1) < 2 * b * r && SlotCell(r, b, BufferLayout(r, b).Im(i0, i1)) == (i0, i1)
  {
    BufferSlots(r, b, i0, i1);
    var c := SlotCell(r, b, BufferLayout(r, b).Re(i0, i1));
    RowMajorUnique(r, c.0, c.1, i0, i1);
    var d := SlotCell(r, b, BufferLayout(r, b).Im(i0, i1));
    RowMajorUnique(r, d.0, d.1, i0, i1);
  }

  /**
   * The staged buffer of a batch: slot p holds the part of the cell
   * `SlotCell(r, b, p)` the scratch layout puts there, read from `mem`
   * through the block's layout `src`.
   */
  ghost function Gather<T>(mem: seq<T>, src: Layout, r: nat, b: nat): (s: seq<T>)
    requires src.Fits(r, b, |mem|)
    ensures |s| == 2 * b * r
  {
    seq(2 * b * r, p requires 0 <= p < 2 * b * r =>
      var c := SlotCell(r, b, p);
      if p < b * r then mem[src.Re(c.0, c.1)] else mem[src.Im(c.0, c.1)])
  }

  /** A cell of the block one of whose two locations is x. */
  ghost function CellAt(src: Layout, r: nat, b: nat, x: int): (c: (int, int))
    requires src.Covers(r, b, x)
    ensures 0 <= c.0 < r && 0 <= c.1 < b && (x == src.Re(c.0, c.1) || x == src.Im(c.0, c.1))
  {
    var i0, i1 :| 0 <= i0 < r && 0 <= i1 < b && (x == src.Re(i0, i1) || x == src.Im(i0, i1));
    (i0, i1)
  }

  /** One location of `Scatter`: a location of cell c takes the slot c's part occupies in `out`. */
  ghost function ScatterAt<T>(mem: seq<T>, src: Layout, r: nat, b: nat, out: seq<T>, x: int): T
    requires |out| == 2 * b * r && 0 <= x < |mem|
  {
    if src.Covers(r, b, x) then
      var c := CellAt(src, r, b, x);
      BufferSlots(r, b, c.0, c.1);
      if x == src.Re(c.0, c.1) then out[BufferLayout(r, b).Re(c.0, c.1)] else out[BufferLayout(r, b).Im(c.0, c.1)]
    else
      mem[x]
  }

  /**
   * Memory after a batch's buffer `out` is copied back: every location of
   * the block takes its slot of `out`, every other location keeps its value.
   */
  ghost function Scatter<T>(mem: seq<T>, src: Layout, r: nat, b: nat, out: seq<T>): (res: seq<T>)
    requires |out| == 2 * b * r
    ensures |res| == |mem|
    ensures forall x :: 0 <= x < |mem| && !src.Covers(r, b, x) ==> res[x] == mem[x]
  {
    seq(|mem|, x requires 0 <= x < |mem| => ScatterAt(mem, src, r, b, out, x))
  }

  /** Writing back what was staged, unchanged, restores memory. */
  lemma {:induction false} ScatterGather<T>(mem: seq<T>, src: Layout, r: nat, b: nat)
    requires src.Fits(r, b, |mem|)
    ensures Scatter(mem, src, r, b, Gather(mem, src, r, b)) == mem
  {
    var g := Gather(mem, src, r, b);
    forall x | 0 <= x < |mem|
      ensures ScatterAt(mem, src, r, b, g, x) == mem[x]
    {
      if src.Covers(r, b, x) {
        var c := CellAt(src, r, b, x);
        SlotCellOf(r, b, c.0, c.1);
      }
    }
  }

  /**
   * Staging a block just written back gives the buffer that was written,
   * provided no two locations of the block coincide.
   */
  lemma {:induction false} GatherScatter<T>(mem: seq<T>, src: Layout, r: nat, b: nat, out: seq<T>)
    requires src.Fits(r, b, |mem|) && src.Disjoint(r, b) && |out| == 2 * b * r
    ensures Gather(Scatter(mem, src, r, b, out), src, r, b) == out
  {
    var res := Scatter(mem, src, r, b, out);
    forall p | 0 <= p < 2 * b * r
      ensures Gather(res, src, r, b)[p] == out[p]
    {
      var c := SlotCell(r, b, p);
      var x := if p < b * r then src.Re(c.0, c.1) else src.Im(c.0, c.1);
      assert src.Covers(r, b, x);
      var d := CellAt(src, r, b, x);
      assert d == c;
    }
  }

  /** A staged buffer that agrees with the block cell by cell is the gathered block. */
  lemma {:induction false} StagedIsGather<T>(mem: seq<T>, src: Layout, r: nat, b: nat, staged: seq<T>)
    requires SameBlock(r, b, staged, BufferLayout(r, b), mem, src) && 2 * b * r <= |staged|
    ensures staged[..2 * b * r] == Gather(mem, src, r, b)
  {
    forall p | 0 <= p < 2 * b * r
      ensures staged[p] == Gather(mem, src, r, b)[p]
    {
      var c := SlotCell(r, b, p);
    }
  }

  /**
   * Memory that agrees with the buffer on the block and with `mem0`
   * elsewhere is the scatter of the buffer's staged part.
   */
  lemma {:induction false} WrittenIsScatter<T>(mem0: seq<T>, mem1: seq<T>, src: Layout, r: nat, b: nat,
                                               buf: seq<T>)
    requires |mem1| == |mem0| && 2 * b * r <= |buf|
    requires SameBlock(r, b, mem1, src, buf, BufferLayout(r, b))
    requires forall x :: 0 <= x < |mem1| && !src.Covers(r, b, x) ==> mem1[x] == mem0[x]
    ensures mem1 == Scatter(mem0, src, r, b, buf[..2 * b * r])
  {
    var out := buf[..2 * b * r];
    forall x | 0 <= x < |mem1|
      ensures mem1[x] == ScatterAt(mem0, src, r, b, out, x)
    {
      if src.Covers(r, b, x) {
        var c := CellAt(src, r, b, x);
        BufferSlots(r, b, c.0, c.1);
      }
    }
  }

  /**
   * One buffered batch: copy the r x batchsz block at (rA, iA) with strides
   * (ios, dist) into `buf`, run the codelet on the staged part of `buf`,
   * copy the block back and return the codelet's twiddle position.
   */
  method Doit<T(!new)>(k: Codelet<T>, mem: array<T>, rA: int, iA: int, W: int, ios: int, dist: int,
                 r: nat, batchsz: nat, buf: array<T>, bufstride: Stride) returns (w: int)
    requires k.InPlace() && mem != buf
    requires batchsz <= BatchSize && buf.Length == ScratchSize(r)
    requires Layout(rA, iA, ios, dist).Fits(r, batchsz, mem.Length)
    requires Layout(rA, iA, ios, dist).Disjoint(r, batchsz)
    modifies mem, buf
    ensures 2 * batchsz * r <= buf.Length
    ensures buf[..2 * batchsz * r] ==
      k.run(Gather(old(mem[..]), Layout(rA, iA, ios, dist), r, batchsz), W, bufstride, Width(batchsz), r)
    ensures buf[2 * batchsz * r..] == old(buf[2 * batchsz * r..])
    ensures mem[..] == Scatter(old(mem[..]), Layout(rA, iA, ios, dist), r, batchsz, buf[..2 * batchsz * r])
    ensures w == k.advance(W, Width(batchsz), r)
  {
    var src := Layout(rA, iA, ios, dist);
    var scratch := BufferLayout(r, batchsz);
    var n := 2 * batchsz * r;
    BufferLayoutSound(r, batchsz);
    MulLe(batchsz, BatchSize, r);
    ghost var mem0 := mem[..];
    ghost var buf0 := buf[..];

    Cpy(r, batchsz, mem, src, buf, scratch);
    StagedIsGather(mem0, src, r, batchsz, buf[..]);
    BeyondBatch(r, batchsz);
    assert buf[n..] == buf0[n..];

    var out := k.run(buf[..n], W, bufstride, Width(batchsz), r);
    OverwritePrefix(buf, out);
    w := k.advance(W, Width(batchsz), r);
    ghost var buf1 := buf[..];

    Cpy(r, batchsz, buf, scratch, mem, src);
    WrittenIsScatter(mem0, mem[..], src, r, batchsz, buf1);
  }
}
