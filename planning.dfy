/**
 * When the planner may use the buffered hc2hc solver and how it rates it
 * (`applicable` and `score` in rdft/hc2hc-ditbuf.c).  The generic hc2hc
 * applicability test and the codelet genus's `okp` are opaque to this model
 * and enter as a boolean and a predicate on the query `okp` receives.
 */
module Planning {
  import opened BatchDriver
  import opened StepApplier

  /**
   * The arguments of one `okp` query after the descriptor: real and
   * imaginary base pointers (as offsets from a null buffer), the real
   * stride, the vector stride, the width and the width stride.
   */
  datatype OkpQuery = OkpQuery(rio: int, iio: int, rs: int, vs: int, width: int, ms: int)

  /** `uint` is 32 bits wide. */
  const UintModulus: int := 0x1_0000_0000

  /** The value an `uint` expression with mathematical value x takes (wrap-around). */
  function Uint(x: int): (u: nat)
    ensures u < UintModulus
    ensures 0 <= x < UintModulus ==> u == x
    ensures -UintModulus <= x < 0 ==> u == x + UintModulus
  {
    x % UintModulus
  }

  /**
   * The query `applicable` makes for batches of b columns: a buffer at
   * address 0 whose imaginary half starts at `2*b*r - 1` (computed in
   * `uint`), unit real stride, width `2*b + 1` and width stride r, the same
   * shape `doit` hands the codelet.
   */
  function BatchQuery(r: nat, b: nat): OkpQuery {
    OkpQuery(0, Uint(2 * b * r - 1), 1, 0, Uint(2 * b + 1), r)
  }

  /**
   * `applicable`: the generic test `baseOk` must hold, and when the cofactor
   * `m = n / radix` is at least BATCHSZ the codelet must accept both the
   * full batch and the remainder batch `((m-1)/2) % BATCHSZ`.
   */
  function Applicable(baseOk: bool, okp: OkpQuery -> bool, radix: nat, n: nat): (ok: bool)
    requires radix > 0
    ensures ok ==> baseOk
    ensures n / radix < BatchSize ==> (ok <==> baseOk)
    ensures n / radix >= BatchSize ==>
      (ok <==> baseOk && okp(BatchQuery(radix, BatchSize)) &&
               okp(BatchQuery(radix, Pairs(n / radix) % BatchSize)))
  {
    var m := n / radix;
    baseOk
    && (m < BatchSize || okp(BatchQuery(radix, BatchSize)))
    && (m < BatchSize || okp(BatchQuery(radix, ((m - 1) / 2) % BatchSize)))
  }

  /**
   * With a cofactor of at least BATCHSZ, an applicable plan's codelet
   * accepts every batch size of the partition `apply` uses.
   */
  lemma {:induction false} CheckedSizes(baseOk: bool, okp: OkpQuery -> bool, r: nat, n: nat)
    requires r > 0 && n / r >= BatchSize && Applicable(baseOk, okp, r, n)
    ensures forall k :: 0 <= k < |Partition(Pairs(n / r))| ==>
      okp(BatchQuery(r, Partition(Pairs(n / r))[k]))
  {
    var j := Pairs(n / r);
    PartitionFacts(j);
    forall k | 0 <= k < |Partition(j)|
      ensures okp(BatchQuery(r, Partition(j)[k]))
    {
      if Partition(j)[k] != BatchSize {
        assert k >= j / BatchSize;
        assert Partition(j)[k] == j % BatchSize;
      }
    }
  }

  /**
   * Every batch call of `apply` for a plan whose cofactor is at least
   * BATCHSZ has a size the codelet accepted when the plan was found
   * applicable.
   */
  lemma {:induction false} AppliedBatchesChecked(baseOk: bool, okp: OkpQuery -> bool, p: StepParams,
                                                 n: nat, I: int, O: int, q: nat)
    requires p.r > 0 && p.m == n / p.r && p.m >= BatchSize && Applicable(baseOk, okp, p.r, n)
    requires q < |StepTrace(p, I, O)| && StepTrace(p, I, O)[q].Batch?
    ensures okp(BatchQuery(p.r, StepTrace(p, I, O)[q].size))
  {
    CheckedSizes(baseOk, okp, p.r, n);
    var k := TraceBatchSize(p, I, O, q);
  }

  /**
   * For m = 3 the plan is applicable whatever `okp` answers, although every
   * instance of `apply` hands the codelet one batch of one column (width 3)
   * at the first twiddle position.
   */
  lemma {:induction false} SmallCofactorUnchecked(okp: OkpQuery -> bool, p: StepParams, base: int)
    requires p.r > 0 && p.m == 3
    ensures Applicable(true, okp, p.r, 3 * p.r)
    ensures Batches(Instance(p, base)) == [Batch(base + p.os, base + (3 * p.r - 1) * p.os, p.w, p.iios, p.os, 1)]
  {
    assert 3 * p.r / p.r == 3;
    InstanceShape(p, base);
    PartitionFacts(1);
    assert Partition(1) == [1];
  }

  /**
   * When the middle columns split into full batches only, the remainder
   * query still asks `okp` about a zero-column batch: its imaginary pointer
   * wraps to `2^32 - 1` and its width is 1, a call `apply` never makes.
   */
  lemma {:induction false} EmptyRemainderQuery(r: nat, m: nat)
    requires m >= BatchSize && Pairs(m) % BatchSize == 0
    ensures BatchQuery(r, Pairs(m) % BatchSize) == OkpQuery(0, UintModulus - 1, 1, 0, 1, r)
    ensures forall k :: 0 <= k < |Partition(Pairs(m))| ==> Partition(Pairs(m))[k] == BatchSize
  {
    PartitionFacts(Pairs(m));
    assert Uint(-1) == UintModulus - 1;
  }

  /** The planner's verdict on a solver for a problem. */
  datatype Score = Bad | Ugly | Good {
    function Rank(): nat {
      match this
      case Bad => 0
      case Ugly => 1
      case Good => 2
    }
  }

  /**
   * `score`: BAD when not applicable or when the problem has a vector
   * dimension and the planner forbids vector recursion; UGLY for sizes up to
   * 512 or cofactors up to 4, which favours the unbuffered solver; GOOD
   * otherwise.
   */
  function ScoreOf(baseOk: bool, okp: OkpQuery -> bool, radix: nat, n: nat,
                   vecRank: nat, noVRecurse: bool): (s: Score)
    requires radix > 0
    ensures s == Bad <==> !Applicable(baseOk, okp, radix, n) || (vecRank > 0 && noVRecurse)
    ensures s == Good <==> Applicable(baseOk, okp, radix, n) && !(vecRank > 0 && noVRecurse)
                           && n > 512 && n / radix > 4
  {
    if !Applicable(baseOk, okp, radix, n) then Bad
    else if vecRank > 0 && noVRecurse then Bad
    else if n <= 512 || n / radix <= 4 then Ugly
    else Good
  }

  /**
   * A plan rated GOOD has a cofactor above BATCHSZ, so `applicable` checked
   * both batch sizes, and every batch `apply` makes was accepted by `okp`.
   */
  lemma {:induction false} GoodPlansChecked(baseOk: bool, okp: OkpQuery -> bool, p: StepParams, n: nat,
                                            vecRank: nat, noVRecurse: bool, I: int, O: int)
    requires p.r > 0 && p.m == n / p.r && ScoreOf(baseOk, okp, p.r, n, vecRank, noVRecurse) == Good
    ensures p.m > BatchSize
    ensures forall q :: 0 <= q < |StepTrace(p, I, O)| && StepTrace(p, I, O)[q].Batch? ==>
      okp(BatchQuery(p.r, StepTrace(p, I, O)[q].size))
  {
    forall q | 0 <= q < |StepTrace(p, I, O)| && StepTrace(p, I, O)[q].Batch?
      ensures okp(BatchQuery(p.r, StepTrace(p, I, O)[q].size))
    {
      AppliedBatchesChecked(baseOk, okp, p, n, I, O, q);
    }
  }

  /**
   * With applicability and the vector flags fixed, a larger problem never
   * scores lower.
   */
  lemma {:induction false} ScoreMonotone(baseOk: bool, okp: OkpQuery -> bool, radix: nat, n: nat, n': nat,
                                         vecRank: nat, noVRecurse: bool)
    requires radix > 0 && n <= n'
    requires Applicable(baseOk, okp, radix, n) == Applicable(baseOk, okp, radix, n')
    ensures ScoreOf(baseOk, okp, radix, n, vecRank, noVRecurse).Rank()
         <= ScoreOf(baseOk, okp, radix, n', vecRank, noVRecurse).Rank()
  {
    DivMonotone(n, n', radix);
  }

  lemma DivMonotone(n: nat, n': nat, d: nat)
    requires d > 0 && n <= n'
    ensures n / d <= n' / d
  {
    if n / d > n' / d {
      MulLe(n' / d + 1, n / d, d);
    }
  }
}
