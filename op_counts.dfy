/**
 * The cost estimate `finish` stores in a buffered hc2hc plan
 * (rdft/hc2hc-ditbuf.c).  The operation-count record and its arithmetic
 * (`ops_add`, `ops_add3`, `ops_mul`, `ops_other`) are not part of this
 * model's source; they are taken to be componentwise natural-number
 * arithmetic on four counters.
 */
module OpCounts {
  import opened StepApplier

  /** Counts of additions, multiplications, fused multiply-adds and other operations. */
  datatype Ops = Ops(add: nat, mul: nat, fma: nat, other: nat)

  function OpsAdd(a: Ops, b: Ops): Ops {
    Ops(a.add + b.add, a.mul + b.mul, a.fma + b.fma, a.other + b.other)
  }

  function OpsAdd3(a: Ops, b: Ops, c: Ops): Ops {
    OpsAdd(OpsAdd(a, b), c)
  }

  function OpsMul(n: nat, a: Ops): Ops {
    Ops(n * a.add, n * a.mul, n * a.fma, n * a.other)
  }

  function OpsOther(n: nat): Ops {
    Ops(0, 0, 0, n)
  }

  /** The load/store term `4 * r * ((m-1)/2) * vl`. */
  function LoadStores(r: nat, m: nat, vl: nat): nat
    requires m >= 1
  {
    4 * r * ((m - 1) / 2) * vl
  }

  /** The codelet multiplier `vl * ((m-1)/2) / genus->vl`, in integer division. */
  function KernelCalls(m: nat, vl: nat, genusVl: nat): nat
    requires m >= 1 && genusVl > 0
  {
    vl * ((m - 1) / 2) / genusVl
  }

  /**
   * The plan's cost: the child plans (`cld` once, `cld0` and `cldm` once per
   * instance), the load/store term, and the codelet's own count times the
   * codelet multiplier.
   */
  function FinishOps(cld: Ops, cld0: Ops, cldm: Ops, r: nat, m: nat, vl: nat,
                     genusVl: nat, kernel: Ops): Ops
    requires m >= 1 && genusVl > 0
  {
    OpsAdd3(OpsAdd(cld, OpsMul(vl, OpsAdd(cld0, cldm))),
            OpsOther(LoadStores(r, m, vl)),
            OpsMul(KernelCalls(m, vl, genusVl), kernel))
  }

  /**
   * The cost terms match what `apply` does: the load/store term is four
   * touches per radix row of every column the batch calls of the trace cover,
   * and the codelet multiplier is that column count divided by the codelet's
   * vector length.  The child terms count `cld` once and `cld0`, `cldm` once
   * per instance, as many times as the trace applies them.
   */
  lemma {:induction false} CostMatchesTrace(p: StepParams, I: int, O: int, genusVl: nat)
    requires p.m >= 1 && genusVl > 0
    ensures LoadStores(p.r, p.m, p.vl) == 4 * p.r * Sum(Sizes(Batches(StepTrace(p, I, O))))
    ensures KernelCalls(p.m, p.vl, genusVl) == Sum(Sizes(Batches(StepTrace(p, I, O)))) / genusVl
    ensures Calls(StepTrace(p, I, O), Cld) == 1
    ensures Calls(StepTrace(p, I, O), Cld0) == p.vl && Calls(StepTrace(p, I, O), Cldm) == p.vl
  {
    TraceTotals(p, I, O);
    Regroup(4 * p.r, Pairs(p.m), p.vl);
  }

  lemma Regroup(a: nat, c: nat, vl: nat)
    ensures a * c * vl == a * (vl * c)
  {
  }
}
